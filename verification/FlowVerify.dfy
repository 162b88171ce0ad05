/**
 Graph.Verify: the metered worklist analysis over indexed images, followed by the use check.
 Its verdict is decided by the facts that hold on all paths: absent a resource failure it
 answers Verified exactly for the checked graphs, whose runs are safe on the concrete machine.
 */
module FlowVerify {
  import opened Transfers
  import opened Facts
  import opened Paths
  import opened BlockQueues
  import opened Solving
  import opened FlowImages
  import opened Validation
  import opened Machine
  import opened FlowCosts

  datatype Verdict = Inconclusive | Verified | Rejected
  datatype FailureReason = NoFailure | UnknownInput | ProvenanceMismatch | UnsupportedOperation | InvalidGraph | ResourceLimit
  datatype Result = Result(verdict: Verdict, reason: FailureReason, block: int, operation: int, work: int)

  /** How running one block can fail. */
  datatype Failure = Passed | Failed(verdict: Verdict, reason: FailureReason, operation: int)

  /* ---------- Checking one carrier ---------- */

  /** The first unproved byte of the carrier, and the reason says whether anything is known of it. */
  ghost predicate Refuted(s: set<Fact>, loc: Location, v: nat, width: nat, reason: FailureReason) {
    exists part :: 0 <= part < width && RefutedAt(s, loc.Next(part), Symbol(v, part), reason) && Carried(loc, v, part) <= s
  }

  ghost predicate RefutedAt(s: set<Fact>, at: Location, sym: Symbol, reason: FailureReason) {
    Fact(at, sym) !in s && reason == if FactsHere(s, at) == {} then UnknownInput else ProvenanceMismatch
  }

  method Check(g: Graph, s: FlowImage, loc: Location, v: nat) returns (ok: bool, reason: FailureReason)
    requires s.Valid() && s.b.Valid() && v != 0
    modifies s.b
    ensures s.b.Valid() && s.b.facts == old(s.b.facts)
    ensures !ok ==> s.b.Exhausted()
    ensures s.b.work <= old(s.b.work) + g.Width(v)
    ensures ok && reason.NoFailure? ==> Carried(loc, v, g.Width(v)) <= s.facts
    ensures ok && !reason.NoFailure? ==> Refuted(s.facts, loc, v, g.Width(v), reason)
  {
    hide Consistent, HistoryKept, Times, ScanCost, OperationCost, After, Reach;
    ok, reason := true, NoFailure;
    for part := 0 to g.Width(v)
      invariant ok && s.b.Valid() && s.b.facts == old(s.b.facts)
      invariant s.b.work <= old(s.b.work) + part
      invariant Carried(loc, v, part) <= s.facts
    {
      var at := loc.Next(part);
      var found;
      ok, found := s.Has(at, Symbol(v, part));
      if !ok { return; }
      if !found {
        s.CellContents(at);
        reason := if CellAt(s.cells, at).Empty() then UnknownInput else ProvenanceMismatch;
        NonemptyCell(at, CellAt(s.cells, at));
        assert RefutedAt(s.facts, loc.Next(part), Symbol(v, part), reason);
        return;
      }
      assert Carried(loc, v, part + 1) == Carried(loc, v, part) + {Fact(at, Symbol(v, part))};
    }
  }

  lemma NonemptyCell(at: Location, c: FlowCell)
    ensures OneFact(at, c) + Aliases(at, c.more) == {} <==> c.Empty()
  {
    if c.more != {} {
      var v :| v in c.more;
      assert Fact(at, v) in Aliases(at, c.more);
    }
  }

  /* ---------- Running one block ---------- */

  ghost predicate UsePasses(g: Graph, b: int, i: int, s: set<Fact>)
    requires WellFormed(g) && 0 <= b < |g.blocks| && 0 <= i < |g.blocks[b].operations|
  {
    var op := g.blocks[b].operations[i];
    op.Use? ==> Carried(op.location, op.value, g.Width(op.value)) <= FactsAt(g, b, i, s)
  }

  ghost predicate Supported(g: Graph, b: int)
    requires 0 <= b < |g.blocks|
  {
    forall i :: 0 <= i < |g.blocks[b].operations| ==> !g.blocks[b].operations[i].Unsupported?
  }

  /** What a run of block `b` from `s` may report. */
  ghost predicate RunReport(g: Graph, b: int, s: set<Fact>, check: bool, failure: Failure)
    requires WellFormed(g) && 0 <= b < |g.blocks|
  {
    var ops := g.blocks[b].operations;
    match failure
    case Passed =>
      Supported(g, b) && (check ==> forall i :: 0 <= i < |ops| ==> UsePasses(g, b, i, s))
    case Failed(verdict, reason, i) =>
      && 0 <= i < |ops|
      && (forall j :: 0 <= j < i ==> !ops[j].Unsupported? && (check ==> UsePasses(g, b, j, s)))
      && if ops[i].Unsupported? then verdict.Inconclusive? && reason.UnsupportedOperation?
         else check && ops[i].Use? && verdict.Rejected? && !reason.ResourceLimit?
              && Refuted(FactsAt(g, b, i, s), ops[i].location, ops[i].value, g.Width(ops[i].value), reason)
  }

  /** The outcome of one operation, number `i` of its block, on facts `s`. */
  ghost predicate StepReport(g: Graph, op: Operation, i: nat, s: set<Fact>, check: bool, failure: Failure) {
    match failure
    case Passed => !op.Unsupported? && (check && op.Use? ==> Carried(op.location, op.value, g.Width(op.value)) <= s)
    case Failed(verdict, reason, at) =>
      && at == i
      && if op.Unsupported? then verdict.Inconclusive? && reason.UnsupportedOperation?
         else check && op.Use? && verdict.Rejected? && !reason.ResourceLimit?
              && Refuted(s, op.location, op.value, g.Width(op.value), reason)
  }

  method RunOne(g: Graph, s: FlowImage, op: Operation, i: nat, check: bool) returns (ok: bool, failure: Failure)
    requires OperationValid(g, op) && s.Ready()
    modifies s, s.b
    ensures s.b.Valid()
    ensures !ok ==> s.b.Exhausted()
    ensures s.b.work <= old(s.b.work) + 65 + OperationCost(old(s.retained))
    ensures ok ==> StepReport(g, op, i, old(s.facts), check, failure)
    ensures ok && failure.Passed? ==> s.Ready() && s.facts == AfterOperation(g, old(s.facts), op)
    ensures ok && failure.Passed? ==> s.retained + 1 <= 129 * (old(s.retained) + 1)
    ensures ok && failure.Passed? ==> s.b.facts - s.retained == old(s.b.facts - s.retained)
  {
    hide Consistent, HistoryKept, Times, ScanCost, OperationCost, After, Reach, AfterOperation;
    failure := Passed;
    ok := s.b.Charge(1);
    if !ok { return; }
    if op.Unsupported? {
      return true, Failed(Inconclusive, UnsupportedOperation, i);
    }
    if op.Use? && check {
      var reason;
      ok, reason := Check(g, s, op.location, op.value);
      if !ok { return; }
      if !reason.NoFailure? {
        RefutedIsFinding(s.facts, op.location, op.value, g.Width(op.value), reason);
        return true, Failed(Rejected, reason, i);
      }
    }
    ok := Execute(g, s, op);
  }

  method Run(g: Graph, s: FlowImage, block: int, check: bool) returns (ok: bool, failure: Failure)
    requires WellFormed(g) && 0 <= block < |g.blocks| && s.Ready()
    modifies s, s.b
    ensures s.b.Valid()
    ensures !ok ==> s.b.Exhausted()
    ensures s.b.work <= old(s.b.work) + RunCost(old(s.retained) + 1, |g.blocks[block].operations|)
    ensures ok && failure.Passed? ==> s.retained + 1 <= After(old(s.retained) + 1, |g.blocks[block].operations|)
    ensures ok ==> RunReport(g, block, old(s.facts), check, failure)
    ensures ok && failure.Passed? ==> s.Ready() && s.facts == FactsOut(g, block, old(s.facts))
    ensures ok && failure.Passed? ==> s.b.facts - s.retained == old(s.b.facts - s.retained)
  {
    hide Consistent, HistoryKept, Times, ScanCost, OperationCost, After, Reach, AfterOperation, OperationValid;
    ok, failure := true, Passed;
    var ops := g.blocks[block].operations;
    assert BlockValid(g, g.blocks[block]);
    ghost var c, round := s.retained + 1, 65 + OperationCost(After(s.retained + 1, |ops|));
    RunStarts(c, round);
    for i := 0 to |ops|
      invariant ok && failure.Passed? && s.Ready()
      invariant s.retained + 1 <= After(c, i) && s.b.work <= old(s.b.work) + Times(i, round) <= old(s.b.work) + Times(|ops|, round)
      invariant s.facts == FactsAt(g, block, i, old(s.facts))
      invariant s.b.facts - s.retained == old(s.b.facts - s.retained)
      invariant forall j :: 0 <= j < i ==> !ops[j].Unsupported?
      invariant check ==> forall j :: 0 <= j < i ==> UsePasses(g, block, j, old(s.facts))
    {
      assert ops[..i + 1][..i] == ops[..i];
      RunRound(c, i, |ops|, round, s.retained);
      ok, failure := RunOne(g, s, ops[i], i, check);
      if !ok || failure.Failed? { return; }
    }
  }

  lemma RunStarts(c: nat, round: nat)
    ensures After(c, 0) == c && Times(0, round) == 0
  {
  }

  /** The allowance for one more operation covers its check and its effect. */
  lemma RunRound(c: nat, i: nat, n: nat, round: nat, r: nat)
    requires i < n && r + 1 <= After(c, i) && round == 65 + OperationCost(After(c, n))
    ensures Times(i + 1, round) == Times(i, round) + round <= Times(n, round)
    ensures OperationCost(r) + 65 <= round && After(c, i + 1) == 129 * After(c, i)
  {
    TimesNext(i, round);
    TimesGrows(i + 1, n, round);
    AfterGrows(c, c, i, n);
    OperationCostGrows(r, After(c, n));
  }

  /** The effect of one operation other than a check. */
  method Execute(g: Graph, s: FlowImage, op: Operation) returns (ok: bool)
    requires OperationValid(g, op) && s.Ready()
    modifies s, s.b
    ensures s.b.Valid()
    ensures !ok ==> s.b.Exhausted()
    ensures s.b.work <= old(s.b.work) + OperationCost(old(s.retained))
    ensures ok ==> s.retained + 1 <= 129 * (old(s.retained) + 1)
    ensures ok ==> s.Ready() && s.facts == AfterOperation(g, old(s.facts), op)
    ensures ok ==> s.b.facts - s.retained == old(s.b.facts - s.retained)
  {
    hide Consistent, HistoryKept, Times, ScanCost, OperationCost, After, Reach;
    OperationCosts(s.retained);
    match op {
      case Machine(e) => ok := s.Apply(e);
      case Define(loc, v) => ok := s.Define(loc, v, g.Width(v));
      case DefineConstant(loc, v) => ok := s.DefineConstant(loc, v, g.Width(v));
      case Use(_, _) => ok := true;
      case Unsupported => ok := true;
    }
  }

  /* ---------- The entry images ---------- */

  function Sum(r: seq<nat>): nat {
    if r == [] then 0 else Sum(r[..|r| - 1]) + r[|r| - 1]
  }

  lemma {:induction false} SumUpdate(r: seq<nat>, i: nat, v: nat)
    requires i < |r|
    ensures Sum(r[i := v]) == Sum(r) - r[i] + v
  {
    var init := r[..|r| - 1];
    if i == |r| - 1 {
      assert r[i := v][..|r| - 1] == init;
    } else {
      SumUpdate(init, i, v);
      assert r[i := v][..|r| - 1] == init[i := v];
    }
  }

  lemma {:induction false} SumZero(r: seq<nat>)
    requires forall i :: 0 <= i < |r| ==> r[i] == 0
    ensures Sum(r) == 0
  {
    if r != [] { SumZero(r[..|r| - 1]); }
  }

  lemma {:induction false} SumBounds(r: seq<nat>, i: nat)
    requires i < |r|
    ensures r[i] <= Sum(r)
  {
    if i < |r| - 1 { SumBounds(r[..|r| - 1], i); }
  }

  /** One image per visited block, all distinct and metered by `b`; `r` lists their storage credits. */
  ghost predicate Pool(images: seq<FlowImage?>, b: FlowBudget, r: seq<nat>)
    reads images
  {
    && |r| == |images|
    && (forall i :: 0 <= i < |images| && images[i] != null ==>
          images[i].Valid() && images[i].b == b && images[i].retained == r[i])
    && (forall i :: 0 <= i < |images| && images[i] == null ==> r[i] == 0)
    && (forall i, j :: 0 <= i < j < |images| && images[i] != null ==> images[i] != images[j])
  }

  /** The plain assignment that the images represent. */
  ghost function View(images: seq<FlowImage?>): Assignment
    reads images
  {
    map i | 0 <= i < |images| && images[i] != null :: images[i].facts
  }

  method SeedEntry(g: Graph, b: FlowBudget) returns (ok: bool, image: FlowImage)
    requires WellFormed(g) && b.Valid() && b.facts == 0
    modifies b
    ensures fresh(image) && image.b == b && b.Valid()
    ensures !ok ==> b.Exhausted()
    ensures b.work <= old(b.work) + 128 * |g.inputs|
    ensures ok ==> image.retained < EntryCap(g)
    ensures ok ==> image.Valid() && image.facts == EntryFacts(g) && b.facts == image.retained
  {
    hide Consistent, HistoryKept, Times, ScanCost, OperationCost, After, Reach;
    image := new FlowImage(b);
    ok := true;
    for k := 0 to |g.inputs|
      invariant ok && image.Ready() && image.facts == InputFacts(g, k) && b.facts == image.retained
      invariant b.work <= old(b.work) + 128 * k && image.retained <= 64 * k
    {
      var input := g.inputs[k];
      assert InputValid(g, input);
      for part := 0 to g.Width(input.value)
        invariant ok && image.Ready() && b.facts == image.retained
        invariant b.work <= old(b.work) + 128 * k + 2 * part && image.retained <= 64 * k + part
        invariant image.facts == InputFacts(g, k) + Carried(input.location, input.value, part)
      {
        ok := image.Add(input.location.Next(part), Symbol(input.value, part));
        if !ok { return; }
        assert Carried(input.location, input.value, part + 1)
            == Carried(input.location, input.value, part) + {Fact(input.location.Next(part), Symbol(input.value, part))};
      }
    }
  }

  /** Every image of the new list is old or newly allocated. */
  twostate predicate Grown(images: seq<FlowImage?>, new images': seq<FlowImage?>) {
    |images'| == |images| && forall o :: o in images' && o != null ==> o in images || fresh(o)
  }

  /** An unvisited block takes a clone. */
  method TakeClone(next: FlowImage, t: int, images: seq<FlowImage?>, b: FlowBudget, ghost r: seq<nat>)
    returns (ok: bool, images': seq<FlowImage?>, ghost r': seq<nat>)
    requires 0 <= t < |images| && images[t] == null && Pool(images, b, r) && b.Valid()
    requires next.Valid() && next.b == b && next.retained + Sum(r) <= b.facts
    modifies b
    ensures b.Valid()
    ensures !ok ==> b.Exhausted()
    ensures b.work <= old(b.work) + ScanCost(next.retained)
    ensures ok ==> |r'| == |r| && r' == r[t := r'[t]] && r'[t] <= next.retained
    ensures ok ==> Pool(images', b, r') && b.facts - Sum(r') == old(b.facts) - Sum(r)
    ensures ok ==> View(images') == View(images)[t := next.facts]
    ensures ok ==> Grown(images, images') && (next !in images ==> next !in images')
  {
    hide Consistent, HistoryKept, Times, ScanCost, OperationCost, After, Reach;
    images', r' := images, r;
    var clone;
    ok, clone := next.Clone();
    if !ok { return; }
    images' := images[t := clone];
    r' := r[t := clone.retained];
    SumUpdate(r, t, clone.retained);
    assert View(images').Keys == View(images).Keys + {t};
  }

  /** A visited block meets in place. */
  method MeetInto(next: FlowImage, t: int, images: seq<FlowImage?>, b: FlowBudget, ghost r: seq<nat>)
    returns (ok: bool, changed: bool)
    requires 0 <= t < |images| && images[t] != null && Pool(images, b, r) && b.Valid()
    requires next.Valid() && next.b == b && next !in images && next.retained + Sum(r) <= b.facts
    modifies b, images[t]
    ensures b.Valid()
    ensures !ok ==> b.Exhausted()
    ensures b.work <= old(b.work) + ScanCost(r[t])
    ensures ok ==> Pool(images, b, r) && b.facts == old(b.facts)
    ensures ok ==> View(images) == old(View(images))[t := old(images[t].facts) * next.facts]
    ensures ok ==> (changed <==> old(images[t].facts) * next.facts != old(images[t].facts))
  {
    hide Consistent, HistoryKept, Times, ScanCost, OperationCost, After, Reach;
    SumBounds(r, t);
    ok, changed := images[t].Meet(next);
    if !ok { return; }
    assert View(images).Keys == old(View(images)).Keys + {t};
  }

  /** Joins `next` into block `t`. */
  method JoinInto(next: FlowImage, t: int, images: seq<FlowImage?>, b: FlowBudget, ghost r: seq<nat>)
    returns (ok: bool, changed: bool, images': seq<FlowImage?>, ghost r': seq<nat>)
    requires 0 <= t < |images| && Pool(images, b, r) && b.Valid()
    requires next.Valid() && next.b == b && next !in images && next.retained + Sum(r) <= b.facts
    modifies b, images[t]
    ensures b.Valid()
    ensures !ok ==> b.Exhausted()
    ensures b.work <= old(b.work) + ScanCost(if images[t] == null then next.retained else r[t])
    ensures ok ==> if images[t] == null then |r'| == |r| && r' == r[t := r'[t]] && r'[t] <= next.retained else r' == r
    ensures ok ==> Pool(images', b, r') && b.facts - Sum(r') == old(b.facts) - Sum(r)
    ensures ok ==> View(images') == Joined(old(View(images)), t, next.facts)
    ensures ok ==> (changed <==> Changes(old(View(images)), t, next.facts))
    ensures ok ==> Grown(images, images') && next !in images'
  {
    hide Consistent, HistoryKept, Times, ScanCost, OperationCost, After, Reach, Pool;
    images', r' := images, r;
    if images[t] == null {
      changed := true;
      ok, images', r' := TakeClone(next, t, images, b, r);
    } else {
      ok, changed := MeetInto(next, t, images, b, r);
    }
  }

  /** Propagates the facts `out` leaving a block along one of its edges. */
  method Propagate(g: Graph, h: Hop, out: FlowImage, images: seq<FlowImage?>, b: FlowBudget, ghost r: seq<nat>,
                   ghost d: nat, ghost size: nat)
    returns (ok: bool, changed: bool, images': seq<FlowImage?>, ghost r': seq<nat>)
    requires WellFormed(g) && IsHop(g, h) && |images| == |g.blocks| && Pool(images, b, r)
    requires out.Valid() && b.Valid() && out.b == b && out !in images && b.facts == Sum(r) + out.retained
    requires BlockFits(g.blocks[h.block], size) && out.retained < d && Capped(r, Reach(d, size))
    modifies b, set i | 0 <= i < |images| :: images[i]
    ensures b.Valid()
    ensures !ok ==> b.Exhausted()
    ensures b.work <= old(b.work) + EdgeCost(d, size)
    ensures ok ==> Capped(r', Reach(d, size))
    ensures ok ==> r' == r || TargetOf(g, h) !in old(View(images))
    ensures ok ==> Pool(images', b, r') && b.facts == Sum(r') + out.retained
    ensures ok ==> var d := AfterParameters(out.facts, g.blocks[h.block].edges[h.edge].parameters);
                   && View(images') == Joined(old(View(images)), TargetOf(g, h), d)
                   && (changed <==> Changes(old(View(images)), TargetOf(g, h), d))
    ensures ok ==> Grown(images, images')
  {
    hide Consistent, HistoryKept, Times, ScanCost, OperationCost, After, Reach, Pool, View, Joined, Changes;
    var edge := g.blocks[h.block].edges[h.edge];
    assert BlockValid(g, g.blocks[h.block]);
    assert EdgeValid(g, edge);
    changed, images', r' := false, images, r;
    NarrowCosts(out.retained, d, size);
    JoinCosts(images, b, r, edge.to, d, size);
    ok := b.Charge(1);
    if !ok { return; }
    if |edge.parameters| == 0 {
      assert AfterParameters(out.facts, edge.parameters) == out.facts;
      ok, changed, images', r' := JoinInto(out, edge.to, images, b, r);
    } else {
      ok, changed, images', r' := PropagateRenamed(g, h, out, images, b, r, d, size);
    }
  }

  /** A copy of an image, with the edge's parameters renamed. */
  method RenamedCopy(out: FlowImage, ps: seq<Parameter>, ghost d: nat, ghost size: nat) returns (ok: bool, next: FlowImage)
    requires out.Ready() && (forall p :: p in ps ==> p.to != 0) && out.retained < d && |ps| <= size
    modifies out.b
    ensures fresh(next) && next.b == out.b && out.b.Valid()
    ensures !ok ==> out.b.Exhausted()
    ensures out.b.work <= old(out.b.work) + ScanCost(Reach(d, size)) + Times(size, 400 * d)
    ensures ok ==> next.Valid() && next.facts == AfterParameters(out.facts, ps) && next.retained < Reach(d, size)
    ensures ok ==> out.b.facts == old(out.b.facts) + next.retained
  {
    hide AfterParameters, Consistent, HistoryKept, Times, ScanCost, OperationCost, After, Reach;
    NarrowCosts(out.retained, d, size);
    ok, next := out.Clone();
    if !ok { return; }
    RenameCosts(next.retained, |ps|, d, size);
    ok := next.Parameters(ps);
  }

  /** Along an edge with parameters the facts are renamed in a copy. */
  method PropagateRenamed(g: Graph, h: Hop, out: FlowImage, images: seq<FlowImage?>, b: FlowBudget, ghost r: seq<nat>,
                          ghost d: nat, ghost size: nat)
    returns (ok: bool, changed: bool, images': seq<FlowImage?>, ghost r': seq<nat>)
    requires WellFormed(g) && IsHop(g, h) && |images| == |g.blocks| && Pool(images, b, r)
    requires out.Valid() && b.Valid() && out.b == b && out !in images && b.facts == Sum(r) + out.retained
    requires EdgeValid(g, g.blocks[h.block].edges[h.edge])
    requires BlockFits(g.blocks[h.block], size) && out.retained < d && Capped(r, Reach(d, size))
    modifies b, set i | 0 <= i < |images| :: images[i]
    ensures b.Valid()
    ensures !ok ==> b.Exhausted()
    ensures b.work + 1 <= old(b.work) + EdgeCost(d, size)
    ensures ok ==> Capped(r', Reach(d, size))
    ensures ok ==> r' == r || images[TargetOf(g, h)] == null
    ensures ok ==> Pool(images', b, r') && b.facts == Sum(r') + out.retained
    ensures ok ==> var d := AfterParameters(out.facts, g.blocks[h.block].edges[h.edge].parameters);
                   && View(images') == Joined(old(View(images)), TargetOf(g, h), d)
                   && (changed <==> Changes(old(View(images)), TargetOf(g, h), d))
    ensures ok ==> Grown(images, images')
  {
    hide Pool, View, Joined, Changes, WellFormed, Consistent, HistoryKept, Times, ScanCost, OperationCost, After, Reach;
    var edge := g.blocks[h.block].edges[h.edge];
    changed, images', r' := false, images, r;
    JoinCosts(images, b, r, edge.to, d, size);
    assert forall p :: p in edge.parameters ==> ParameterValid(g, p);
    var next;
    ok, next := RenamedCopy(out, edge.parameters, d, size);
    if !ok { return; }
    WideCosts(next.retained, Reach(d, size));
    ok, changed, images', r' := JoinInto(next, edge.to, images, b, r);
    if !ok { return; }
    next.Release();
  }

  lemma WideCosts(r: nat, m: nat)
    requires r < m
    ensures ScanCost(r) <= ScanCost(m)
  {
    ScanCostGrows(r, m);
  }

  /** What renaming a copy along one edge costs, and how wide the result is. */
  lemma RenameCosts(r: nat, n: nat, d: nat, size: nat)
    requires r < d && n <= size
    ensures Times(n, 400 * (r + 1)) <= Times(size, 400 * d) && r + 1 + Times(n, 64 * (r + 1)) <= Reach(d, size)
  {
    hide Times;
    TimesBoth(n, size, 400 * (r + 1), 400 * d);
    TimesBoth(n, size, 64 * (r + 1), 64 * d);
  }

  lemma NarrowCosts(r: nat, d: nat, size: nat)
    requires r < d
    ensures r < Reach(d, size) && ScanCost(r) <= ScanCost(Reach(d, size))
  {
    ReachGrows(d, d, size, size);
    ScanCostGrows(r, Reach(d, size));
  }

  /** Joining into a visited block costs no more than its capped image. */
  lemma JoinCosts(images: seq<FlowImage?>, b: FlowBudget, r: seq<nat>, t: int, d: nat, size: nat)
    requires 0 <= t < |images| && Pool(images, b, r) && Capped(r, Reach(d, size))
    ensures |r| == |images| && ScanCost(r[t]) <= ScanCost(Reach(d, size))
    ensures t in View(images) <==> images[t] != null
  {
    ScanCostGrows(r[t], Reach(d, size));
  }

  function Items(items: seq<int>): set<int> {
    set x | x in items
  }

  /** Between two worklist states: nothing happened, or the assignment descended. */
  ghost predicate Progress(x: Assignment, items: seq<int>, x': Assignment, items': seq<int>, n: nat) {
    (x' == x && items' == items) || Descends(x, x', n)
  }

  /** Caps change only when another block is visited. */
  ghost predicate Widens(x: Assignment, r: seq<nat>, x': Assignment, r': seq<nat>) {
    x.Keys <= x'.Keys && (r' == r || x.Keys < x'.Keys)
  }

  /** Blocks keep waiting, and a newly visited block waits. */
  ghost predicate Waits(x: Assignment, items: seq<int>, x': Assignment, items': seq<int>) {
    && (forall k :: k in items ==> k in items')
    && (forall k :: k in x' && k !in x ==> k in items')
  }

  lemma WaitsSame(x: Assignment, items: seq<int>)
    ensures Waits(x, items, x, items)
  {
  }

  lemma WaitsFurther(x: Assignment, items: seq<int>, x': Assignment, items': seq<int>, x'': Assignment, items'': seq<int>)
    requires Waits(x, items, x', items') && Waits(x', items', x'', items'')
    ensures Waits(x, items, x'', items'')
  {
  }

  lemma JoinWaits(x: Assignment, t: int, s: set<Fact>, items: seq<int>, items': seq<int>)
    requires if Changes(x, t, s) then forall k :: k in items' <==> k in items || k == t else items' == items
    ensures Waits(x, items, Joined(x, t, s), items')
  {
  }

  lemma JoinWidens(x: Assignment, t: int, s: set<Fact>, r: seq<nat>, r': seq<nat>)
    requires r' == r || t !in x
    ensures Widens(x, r, Joined(x, t, s), r')
  {
    assert t in Joined(x, t, s);
  }

  lemma WidensFurther(x: Assignment, r: seq<nat>, x': Assignment, r': seq<nat>, x'': Assignment, r'': seq<nat>)
    requires Widens(x, r, x', r') && Widens(x', r', x'', r'')
    ensures Widens(x, r, x'', r'')
  {
  }

  /** Propagates one edge of the block being processed and enqueues its target when it changed. */
  method ProcessEdge(g: Graph, h: Hop, out: FlowImage, images: seq<FlowImage?>, q: BlockQueue, b: FlowBudget,
                     ghost r: seq<nat>, ghost s: set<Fact>, ghost d: nat, ghost size: nat)
    returns (ok: bool, images': seq<FlowImage?>, ghost r': seq<nat>)
    requires WellFormed(g) && IsHop(g, h) && |images| == |g.blocks| == q.n && Pool(images, b, r) && q.Valid()
    requires out.Valid() && b.Valid() && out.b == b && out !in images && b.facts == Sum(r) + out.retained
    requires out.facts == FactsOut(g, h.block, s)
    requires Bounded(g, View(images)) && Processing(g, View(images), Items(q.items), h.block, s, h.edge)
    requires BlockFits(g.blocks[h.block], size) && out.retained < d && Capped(r, Reach(d, size))
    modifies b, q, q.queue, q.queued, set i | 0 <= i < |images| :: images[i]
    ensures b.Valid() && q.Valid()
    ensures !ok ==> b.Exhausted()
    ensures b.work <= old(b.work) + EdgeCost(d, size)
    ensures ok ==> Capped(r', Reach(d, size)) && Widens(old(View(images)), r, View(images'), r')
    ensures ok ==> Pool(images', b, r') && b.facts == Sum(r') + out.retained && Grown(images, images')
    ensures ok ==> Bounded(g, View(images')) && Processing(g, View(images'), Items(q.items), h.block, s, h.edge + 1)
    ensures ok ==> Waits(old(View(images)), old(q.items), View(images'), q.items)
    ensures ok ==> Progress(old(View(images)), old(q.items), View(images'), q.items, |g.blocks|)
  {
    hide Waits, Changes, Consistent, HistoryKept, Times, ScanCost, OperationCost, After, Reach, Pool, View, Processing, Bounded, Descends, Joined, FactsOut, BlockQueue.Valid;
    var changed;
    ghost var x := View(images);
    ok, changed, images', r' := Propagate(g, h, out, images, b, r, d, size);
    if !ok { return; }
    ghost var t := TargetOf(g, h);
    ghost var d' := FactsAcross(g, h, s);
    assert h == Hop(h.block, h.edge);
    assert BlockValid(g, g.blocks[h.block]) && EdgeValid(g, g.blocks[h.block].edges[h.edge]);
    JoinWidens(x, t, d', r, r');
    ProcessingBasics(g, x, Items(q.items), h.block, s, h.edge);
    JoinKeepsBounded(g, x, h, s);
    JoinKeepsProcessing(g, x, Items(q.items), h.block, s, h.edge);
    JoinDescends(x, |g.blocks|, t, d');
    if changed {
      q.Enqueue(g.blocks[h.block].edges[h.edge].to);
      assert Items(q.items) == Items(old(q.items)) + {t};
    }
    JoinWaits(x, t, d', old(q.items), q.items);
  }

  lemma ProcessingBasics(g: Graph, x: Assignment, pending: set<int>, b: int, s: set<Fact>, k: nat)
    requires WellFormed(g) && Processing(g, x, pending, b, s, k)
    ensures b in x && Known(s) && forall f :: MustFact(g, b, f) ==> f in s
  {
  }

  lemma EdgeRounds(k: nat, n: nat, c: nat)
    requires k <= n
    ensures Times(0, c) == 0 <= Times(n, c)
    ensures k < n ==> Times(k + 1, c) == Times(k, c) + c <= Times(n, c)
  {
    TimesNext(k, c);
    if k < n { TimesGrows(k + 1, n, c); }
  }

  /** Propagates the facts leaving a block along all its edges. */
  method ProcessEdges(g: Graph, block: int, out: FlowImage, images: seq<FlowImage?>, q: BlockQueue, b: FlowBudget,
                      ghost r: seq<nat>, ghost s: set<Fact>, ghost d: nat, ghost size: nat)
    returns (ok: bool, images': seq<FlowImage?>, ghost r': seq<nat>)
    requires WellFormed(g) && 0 <= block < |g.blocks| && |images| == |g.blocks| == q.n && Pool(images, b, r) && q.Valid()
    requires out.Valid() && b.Valid() && out.b == b && out !in images && b.facts == Sum(r) + out.retained
    requires out.facts == FactsOut(g, block, s)
    requires Bounded(g, View(images)) && Processing(g, View(images), Items(q.items), block, s, 0)
    requires BlockFits(g.blocks[block], size) && out.retained < d && Capped(r, Reach(d, size))
    modifies b, q, q.queue, q.queued, set i | 0 <= i < |images| :: images[i]
    ensures b.Valid() && q.Valid()
    ensures !ok ==> b.Exhausted()
    ensures b.work <= old(b.work) + Times(|g.blocks[block].edges|, EdgeCost(d, size))
    ensures ok ==> Capped(r', Reach(d, size)) && Widens(old(View(images)), r, View(images'), r')
    ensures ok ==> Pool(images', b, r') && b.facts == Sum(r') + out.retained && Grown(images, images') && out !in images'
    ensures ok ==> Bounded(g, View(images')) && Settled(g, View(images'), Items(q.items))
    ensures ok ==> Waits(old(View(images)), old(q.items), View(images'), q.items)
    ensures ok ==> Progress(old(View(images)), old(q.items), View(images'), q.items, |g.blocks|)
  {
    hide Waits, Consistent, HistoryKept, Times, ScanCost, OperationCost, After, Reach, Pool, View, Processing, Bounded, Settled, Descends, BlockQueue.Valid, FactsOut;
    ok, images', r' := true, images, r;
    EdgeRounds(0, |g.blocks[block].edges|, EdgeCost(d, size));
    WaitsSame(View(images), q.items);
    for k := 0 to |g.blocks[block].edges|
      invariant ok && q.Valid() && out.Valid() && b.Valid() && out !in images' && Grown(images, images')
      invariant Capped(r', Reach(d, size)) && Widens(old(View(images)), r, View(images'), r') && out.retained < d
      invariant b.work <= old(b.work) + Times(k, EdgeCost(d, size)) <= old(b.work) + Times(|g.blocks[block].edges|, EdgeCost(d, size))
      invariant out.facts == FactsOut(g, block, s) && Pool(images', b, r') && b.facts == Sum(r') + out.retained
      invariant Bounded(g, View(images')) && Processing(g, View(images'), Items(q.items), block, s, k)
      invariant Waits(old(View(images)), old(q.items), View(images'), q.items)
      invariant Progress(old(View(images)), old(q.items), View(images'), q.items, |g.blocks|)
    {
      ghost var x', caps, waiting := View(images'), r', q.items;
      EdgeRounds(k, |g.blocks[block].edges|, EdgeCost(d, size));
      forall i | 0 <= i < |images'| && images'[i] != null
        ensures fresh(images'[i]) || exists j :: 0 <= j < |images| && images[j] == images'[i]
      {
        assert images'[i] in images';
      }
      ok, images', r' := ProcessEdge(g, Hop(block, k), out, images', q, b, r', s, d, size);
      if !ok { return; }
      WaitsFurther(old(View(images)), old(q.items), x', waiting, View(images'), q.items);
      WidensFurther(old(View(images)), r, x', caps, View(images'), r');
      DescendsFurther(old(View(images)), x', View(images'), |g.blocks|);
    }
    Finish(g, View(images'), Items(q.items), block, s);
  }

  lemma LeaveCosts(edges: nat, c: nat, size: nat)
    requires edges <= size
    ensures Times(edges, EdgeCost(After(c, size), size)) <= Times(size, EdgeCost(After(c, size), size)) && c <= Widened(c, size)
  {
    TimesGrows(edges, size, EdgeCost(After(c, size), size));
    WidenedGrows(c, c, size);
  }

  /** Runs a block on a copy of its image. */
  method RunCopy(g: Graph, block: int, image: FlowImage, check: bool, ghost c: nat, ghost size: nat)
    returns (ok: bool, failure: Failure, out: FlowImage)
    requires WellFormed(g) && 0 <= block < |g.blocks| && image.Ready()
    requires BlockFits(g.blocks[block], size) && image.retained < c
    modifies image.b
    ensures fresh(out) && out.b == image.b && image.b.Valid()
    ensures !ok ==> image.b.Exhausted()
    ensures image.b.work <= old(image.b.work) + ScanCost(c) + RunCost(c, size)
    ensures ok ==> RunReport(g, block, image.facts, check, failure)
    ensures ok && failure.Passed? ==> out.Valid() && out.facts == FactsOut(g, block, image.facts) && out.retained < After(c, size)
    ensures ok && failure.Passed? ==> image.b.facts == old(image.b.facts) + out.retained
  {
    hide RunReport, FactsOut, RunCost, Consistent, HistoryKept, Times, ScanCost, OperationCost, After, Reach;
    failure := Passed;
    ScanCostGrows(image.retained, c);
    ok, out := image.Clone();
    if !ok { return; }
    AfterGrows(out.retained + 1, c, |g.blocks[block].operations|, size);
    RunCostGrows(out.retained + 1, c, |g.blocks[block].operations|, size);
    ok, failure := Run(g, out, block, check);
  }

  /** Takes one block off the worklist and propagates its facts. */
  method ProcessBlock(g: Graph, block: int, images: seq<FlowImage?>, q: BlockQueue, b: FlowBudget, ghost r: seq<nat>,
                      ghost c: nat, ghost size: nat)
    returns (ok: bool, failure: Failure, images': seq<FlowImage?>, ghost r': seq<nat>)
    requires WellFormed(g) && 0 <= block < |g.blocks| && |images| == |g.blocks| == q.n && Pool(images, b, r) && q.Valid()
    requires images[block] != null && b.Valid() && b.facts == Sum(r)
    requires Bounded(g, View(images)) && Settled(g, View(images), Items(q.items) + {block}) && block !in q.items
    requires BlockFits(g.blocks[block], size) && Capped(r, c)
    modifies b, q, q.queue, q.queued, set i | 0 <= i < |images| :: images[i]
    ensures b.Valid() && q.Valid()
    ensures !ok ==> b.Exhausted()
    ensures b.work <= old(b.work) + BlockCost(c, size)
    ensures ok ==> failure.Passed? ==> Capped(r', Widened(c, size)) && Widens(old(View(images)), r, View(images'), r')
    ensures ok ==> failure.Passed? ==> Pool(images', b, r') && b.facts == Sum(r') && Grown(images, images')
    ensures ok ==> failure.Passed? ==> Bounded(g, View(images')) && Settled(g, View(images'), Items(q.items)) && Supported(g, block)
    ensures ok ==> failure.Passed? ==> Waits(old(View(images)), old(q.items), View(images'), q.items)
    ensures ok ==> failure.Passed? ==> Progress(old(View(images)), old(q.items), View(images'), q.items, |g.blocks|)
    ensures ok ==> failure.Failed? ==> RunReport(g, block, old(images[block].facts), false, failure)
  {
    hide Waits, RunCost, EdgeCost, Widens, Consistent, HistoryKept, Times, ScanCost, OperationCost, After, Reach, View, Processing, Bounded, Settled, Progress, Descends, BlockQueue.Valid, FactsOut, RunReport;
    images', r' := images, r;
    failure := Passed;
    ghost var s := images[block].facts;
    SumBounds(r, block);
    assert block in View(images) && View(images)[block] == s by { ViewAt(images, block); }
    Begin(g, View(images), Items(q.items) + {block}, block);
    assert Items(q.items) + {block} - {block} == Items(q.items);
    LeaveCosts(|g.blocks[block].edges|, c, size);
    CappedGrows(r, c, Widened(c, size));
    var out;
    ok, failure, out := RunCopy(g, block, images[block], false, c, size);
    if !ok || failure.Failed? { return; }
    RunSupported(g, block, s, false, failure);
    hide Pool;
    ok, images', r' := ProcessEdges(g, block, out, images, q, b, r, s, After(c, size), size);
    if !ok { return; }
    out.Release();
  }

  lemma ViewAt(images: seq<FlowImage?>, i: int)
    requires 0 <= i < |images|
    ensures i in View(images) <==> images[i] != null
    ensures images[i] != null ==> View(images)[i] == images[i].facts
  {
  }

  lemma RunSupported(g: Graph, b: int, s: set<Fact>, check: bool, failure: Failure)
    requires WellFormed(g) && 0 <= b < |g.blocks| && RunReport(g, b, s, check, failure) && failure.Passed?
    ensures Supported(g, b)
  {
  }

  /** The measure of the worklist: unvisited blocks, then facts, then queue length. */
  lemma WorklistDescends(x: Assignment, items: seq<int>, x': Assignment, items': seq<int>, n: nat)
    requires Progress(x, items, x', items', n)
    requires forall b :: b in x' ==> 0 <= b < n
    ensures
      || n - |x'.Keys| < n - |x.Keys|
      || (|x'.Keys| == |x.Keys| && TotalFacts(x', n) < TotalFacts(x, n))
      || (x' == x && |items'| == |items|)
    ensures 0 <= n - |x'.Keys|
  {
    VisitedAtMost(x', n);
    if x.Keys < x'.Keys { VisitedGrows(x, x'); }
  }

  /** The pool with only the entry visited. */
  method SeedPool(g: Graph, b: FlowBudget) returns (ok: bool, images: seq<FlowImage?>, ghost r: seq<nat>)
    requires WellFormed(g) && b.Valid() && b.facts == 0
    modifies b
    ensures b.Valid()
    ensures !ok ==> b.Exhausted()
    ensures b.work <= old(b.work) + 128 * |g.inputs|
    ensures ok ==> Capped(r, EntryCap(g))
    ensures ok ==> |images| == |g.blocks| && Pool(images, b, r) && b.facts == Sum(r)
    ensures ok ==> View(images) == map[g.entry := EntryFacts(g)]
    ensures ok ==> forall o :: o in images && o != null ==> fresh(o)
  {
    hide Consistent, HistoryKept, Times, ScanCost, OperationCost, After, Reach, EntryFacts;
    images := seq(|g.blocks|, _ => null);
    r := seq(|g.blocks|, _ => 0);
    SumZero(r);
    var entry;
    ok, entry := SeedEntry(g, b);
    if !ok { return; }
    SumUpdate(r, g.entry, entry.retained);
    images := images[g.entry := entry];
    r := r[g.entry := entry.retained];
    assert View(images).Keys == {g.entry};
  }

  /** One round is within the allowance of the rounds left. */
  lemma RoundAllowance(g: Graph, v: nat, facts: nat, count: nat)
    requires 1 <= v <= |g.blocks| && count > 0
    ensures RoundCostOf(g) <= Times(Rounds(|g.blocks|, v, facts, count, FinalCap(g)), RoundCostOf(g))
    ensures 1 + BlockCost(CapAt(v, EntryCap(g), GraphSize(g)), GraphSize(g)) <= RoundCostOf(g)
  {
    hide BlockCost, CapAt;
    TimesGrows(1, Rounds(|g.blocks|, v, facts, count, FinalCap(g)), RoundCostOf(g));
    CapGrows(v, |g.blocks|, EntryCap(g), GraphSize(g));
    BlockCostGrows(CapAt(v, EntryCap(g), GraphSize(g)), FinalCap(g), GraphSize(g));
  }

  lemma RoundPaid(rounds: nat, left: nat, c: nat)
    requires left + 1 <= rounds
    ensures Times(left, c) + c <= Times(rounds, c)
  {
    hide Times;
    TimesNext(left, c);
    TimesGrows(left + 1, rounds, c);
  }

  /** The images hold no more facts than the final cap. */
  lemma PoolFacts(g: Graph, images: seq<FlowImage?>, b: FlowBudget, r: seq<nat>, x: Assignment, caps: seq<nat>)
    requires Pool(images, b, r) && |images| == |g.blocks| && 1 <= |x.Keys|
    requires Widens(x, caps, View(images), r) && |View(images).Keys| <= |g.blocks|
    requires Capped(caps, CapAt(|x.Keys|, EntryCap(g), GraphSize(g)))
    requires Capped(r, Widened(CapAt(|x.Keys|, EntryCap(g), GraphSize(g)), GraphSize(g)))
    ensures Capped(r, CapAt(|View(images).Keys|, EntryCap(g), GraphSize(g)))
    ensures forall k :: k in View(images) ==> |View(images)[k]| <= FinalCap(g)
  {
    hide Widened, Consistent, HistoryKept;
    CapsFollow(g, x, caps, View(images), r);
    CapGrows(|View(images).Keys|, |g.blocks|, EntryCap(g), GraphSize(g));
    forall k | k in View(images) ensures |View(images)[k]| <= FinalCap(g) {
      images[k].FactCount();
    }
  }

  lemma CapsFollow(g: Graph, x: Assignment, caps: seq<nat>, x': Assignment, r: seq<nat>)
    requires 1 <= |x.Keys| && Widens(x, caps, x', r)
    requires Capped(caps, CapAt(|x.Keys|, EntryCap(g), GraphSize(g)))
    requires Capped(r, Widened(CapAt(|x.Keys|, EntryCap(g), GraphSize(g)), GraphSize(g)))
    ensures Capped(r, CapAt(|x'.Keys|, EntryCap(g), GraphSize(g)))
  {
    hide Widened, CapAt;
    if x.Keys < x'.Keys {
      VisitedGrows(x, x');
      CapStep(|x.Keys|, |x'.Keys|, EntryCap(g), GraphSize(g));
    } else {
      assert x.Keys == x'.Keys;
    }
  }

  /** Every round leaves fewer to go. */
  lemma RoundDone(g: Graph, x: Assignment, count: nat, items: seq<int>, x': Assignment, items': seq<int>, caps: seq<nat>, r: seq<nat>)
    requires Progress(x, items, x', items', |g.blocks|) && |items| + 1 == count && |items'| <= |g.blocks|
    requires |x.Keys| <= |g.blocks| && |x'.Keys| <= |g.blocks| && forall k :: k in x' ==> |x'[k]| <= FinalCap(g)
    ensures Rounds(|g.blocks|, |x'.Keys|, TotalFacts(x', |g.blocks|), |items'|, FinalCap(g)) + 1
         <= Rounds(|g.blocks|, |x.Keys|, TotalFacts(x, |g.blocks|), count, FinalCap(g))
  {
    hide Rounds, FinalCap, TotalFacts;
    var n, m := |g.blocks|, FinalCap(g);
    FactsBound(x', n, n, m);
    if x' == x && items' == items {
      RoundsQueue(n, |x.Keys|, TotalFacts(x, n), count, m);
    } else if x.Keys < x'.Keys {
      VisitedGrows(x, x');
      RoundsVisit(n, |x.Keys|, TotalFacts(x, n), count, |x'.Keys|, TotalFacts(x', n), |items'|, m);
    } else {
      RoundsFacts(n, |x.Keys|, TotalFacts(x, n), count, TotalFacts(x', n), |items'|, m);
    }
  }

  lemma FinalCapped(g: Graph, x: Assignment, r: seq<nat>)
    requires |x.Keys| <= |g.blocks| && Capped(r, CapAt(|x.Keys|, EntryCap(g), GraphSize(g)))
    ensures Capped(r, FinalCap(g))
  {
    hide CapAt;
    CapGrows(|x.Keys|, |g.blocks|, EntryCap(g), GraphSize(g));
  }

  /** Every visited block that does not wait has been run, and contains nothing unsupported. */
  ghost predicate Supports(g: Graph, x: Assignment, items: seq<int>) {
    forall k :: k in x && k !in items ==> 0 <= k < |g.blocks| && Supported(g, k)
  }

  lemma SupportsNext(g: Graph, x: Assignment, before: seq<int>, block: int, items: seq<int>, x': Assignment, items': seq<int>)
    requires Supports(g, x, before) && (forall k :: k in before <==> k in items || k == block)
    requires Waits(x, items, x', items') && 0 <= block < |g.blocks| && Supported(g, block)
    ensures Supports(g, x', items')
  {
  }

  /** Runs the worklist to the end; terminates whether or not the budget runs out. */
  method Iterate(g: Graph, b: FlowBudget, q: BlockQueue, images0: seq<FlowImage?>, ghost r0: seq<nat>)
    returns (ok: bool, failure: Failure, block: int, images: seq<FlowImage?>, ghost r: seq<nat>)
    requires WellFormed(g) && b.Valid() && q.Valid() && |images0| == |g.blocks| == q.n
    requires Pool(images0, b, r0) && b.facts == Sum(r0)
    requires Bounded(g, View(images0)) && Settled(g, View(images0), Items(q.items))
    requires 1 <= |View(images0).Keys| <= |g.blocks| && Capped(r0, CapAt(|View(images0).Keys|, EntryCap(g), GraphSize(g)))
    requires Supports(g, View(images0), q.items)
    modifies b, q, q.queue, q.queued, set i | 0 <= i < |images0| :: images0[i]
    ensures b.Valid()
    ensures !ok ==> b.Exhausted()
    ensures b.work <= old(b.work) + Times(old(Rounds(|g.blocks|, |View(images0).Keys|, TotalFacts(View(images0), |g.blocks|), q.count, FinalCap(g))), RoundCostOf(g))
    ensures ok && failure.Passed? ==> Capped(r, FinalCap(g)) && Supports(g, View(images), [])
    ensures ok && failure.Passed? ==> Grown(images0, images) && Pool(images, b, r) && b.facts == Sum(r)
    ensures ok && failure.Passed? ==> Bounded(g, View(images)) && Settled(g, View(images), {})
    ensures ok && failure.Failed? ==> 0 <= block < |g.blocks| && Reachable(g, block) && exists s :: RunReport(g, block, s, false, failure)
  {
    hide Supports, Supported, Waits, Rounds, CapAt, BlockCost, RoundCostOf, Widens, Capped, Consistent, HistoryKept, Times, ScanCost, OperationCost, After, Reach, Pool, View, Bounded, Settled, Descends, Progress, RunReport, TotalFacts, RingHolds, Members;
    ok, failure, block, images, r := true, Passed, -1, images0, r0;
    BoundedBasics(g, View(images));
    BlocksFit(g);
    ghost var rounds := Rounds(|g.blocks|, |View(images).Keys|, TotalFacts(View(images), |g.blocks|), q.count, FinalCap(g));
    while q.count != 0
      invariant 0 <= |g.blocks| - |View(images).Keys|
      invariant ok && failure.Passed? && q.Valid() && b.Valid() && Grown(images0, images)
      invariant Pool(images, b, r) && b.facts == Sum(r)
      invariant 1 <= |View(images).Keys| && Capped(r, CapAt(|View(images).Keys|, EntryCap(g), GraphSize(g)))
      invariant rounds == Rounds(|g.blocks|, |View(images).Keys|, TotalFacts(View(images), |g.blocks|), q.count, FinalCap(g))
      invariant b.work + Times(rounds, RoundCostOf(g)) <= old(b.work) + Times(old(Rounds(|g.blocks|, |View(images0).Keys|, TotalFacts(View(images0), |g.blocks|), q.count, FinalCap(g))), RoundCostOf(g))
      invariant Supports(g, View(images), q.items)
      invariant Bounded(g, View(images)) && Settled(g, View(images), Items(q.items))
      decreases |g.blocks| - |View(images).Keys|, TotalFacts(View(images), |g.blocks|), q.count
    {
      RoundAllowance(g, |View(images).Keys|, TotalFacts(View(images), |g.blocks|), q.count);
      ok := b.Charge(1);
      if !ok { return; }
      ghost var x := View(images);
      ghost var before, count, caps := q.items, q.count, r;
      SettledBasics(g, x, Items(before));
      BoundedBasics(g, x);
      block := q.Dequeue();
      ghost var items := q.items;
      assert Items(before) == Items(items) + {block} && block in Items(before);
      assert forall k :: k in before <==> k in Items(before);
      assert forall k :: k in items <==> k in Items(items);
      ViewAt(images, block);
      forall i | 0 <= i < |images| && images[i] != null
        ensures fresh(images[i]) || exists j :: 0 <= j < |images0| && images0[j] == images[i]
      {
        assert images[i] in images;
      }
      ok, failure, images, r := ProcessBlock(g, block, images, q, b, r, CapAt(|View(images).Keys|, EntryCap(g), GraphSize(g)), GraphSize(g));
      if !ok || failure.Failed? { return; }
      SupportsNext(g, x, before, block, items, View(images), q.items);
      BoundedBasics(g, View(images));
      PoolFacts(g, images, b, r, x, caps);
      q.CountBound();
      RoundDone(g, x, count, items, View(images), q.items, caps, r);
      RoundPaid(rounds, Rounds(|g.blocks|, |View(images).Keys|, TotalFacts(View(images), |g.blocks|), q.count, FinalCap(g)), RoundCostOf(g));
      rounds := Rounds(|g.blocks|, |View(images).Keys|, TotalFacts(View(images), |g.blocks|), q.count, FinalCap(g));
      WorklistDescends(x, items, View(images), q.items, |g.blocks|);
    }
    FinalCapped(g, View(images), r);
    assert q.items == [];
    assert Items(q.items) == {};
  }

  lemma BoundedBasics(g: Graph, x: Assignment)
    requires WellFormed(g) && Bounded(g, x)
    ensures forall b :: b in x ==> 0 <= b < |g.blocks| && Reachable(g, b)
    ensures 0 <= |g.blocks| - |x.Keys|
  {
    VisitedAtMost(x, |g.blocks|);
  }

  method EntryQueue(g: Graph) returns (q: BlockQueue)
    requires 0 <= g.entry < |g.blocks|
    ensures fresh(q) && fresh(q.queue) && fresh(q.queued) && q.Valid() && q.n == |g.blocks| && Items(q.items) == {g.entry}
  {
    q := new BlockQueue(|g.blocks|);
    q.Enqueue(g.entry);
  }

  lemma StartSupports(g: Graph, x: Assignment, items: seq<int>)
    requires x.Keys == Items(items)
    ensures Supports(g, x, items)
  {
    forall k | k in x ensures k in items { assert k in Items(items); }
  }

  /** From the entry alone to the fixed point. */
  method Settle(g: Graph, b: FlowBudget, images0: seq<FlowImage?>, ghost r0: seq<nat>)
    returns (ok: bool, failure: Failure, block: int, images: seq<FlowImage?>, ghost r: seq<nat>)
    requires WellFormed(g) && |g.blocks| >= 1 && b.Valid() && |images0| == |g.blocks| && Pool(images0, b, r0) && b.facts == Sum(r0)
    requires View(images0) == map[g.entry := EntryFacts(g)] && Capped(r0, EntryCap(g)) && 0 <= g.entry < |g.blocks|
    modifies b, set i | 0 <= i < |images0| :: images0[i]
    ensures b.Valid()
    ensures !ok ==> b.Exhausted()
    ensures b.work <= old(b.work) + Times(AllRounds(g), RoundCostOf(g))
    ensures ok && failure.Passed? ==> Supports(g, View(images), [])
    ensures ok && failure.Passed? ==> Capped(r, FinalCap(g)) && Grown(images0, images)
    ensures ok && failure.Passed? ==> |images| == |g.blocks| && Pool(images, b, r) && b.facts == Sum(r)
    ensures ok && failure.Passed? ==> Bounded(g, View(images)) && Settled(g, View(images), {})
    ensures ok && failure.Failed? ==>
      0 <= block < |g.blocks| && Reachable(g, block) && exists s :: RunReport(g, block, s, false, failure)
  {
    hide Supports, AllRounds, RoundCostOf, CapAt, Capped, FinalCap, Rounds, Pool, View, Bounded, Settled, RunReport, WellFormed, EntryFacts,
         BlockQueue.Valid, Consistent, HistoryKept, Times;
    Start(g);
    var q := EntryQueue(g);
    assert View(images0).Keys == {g.entry};
    StartSupports(g, View(images0), q.items);
    StartCosts(g, images0, b, r0, q);
    ok, failure, block, images, r := Iterate(g, b, q, images0, r0);
  }

  /** Computes the descending fixed point. */
  method Solve(g: Graph, b: FlowBudget)
    returns (ok: bool, failure: Failure, block: int, images: seq<FlowImage?>, ghost r: seq<nat>)
    requires WellFormed(g) && b.Valid() && b.facts == 0
    modifies b
    ensures b.Valid()
    ensures !ok ==> b.Exhausted()
    ensures b.work <= old(b.work) + 128 * |g.inputs| + Times(AllRounds(g), RoundCostOf(g))
    ensures ok && failure.Passed? ==> Supports(g, View(images), [])
    ensures ok && failure.Passed? ==> Capped(r, FinalCap(g))
    ensures ok && failure.Passed? ==> |images| == |g.blocks| && Pool(images, b, r) && b.facts == Sum(r)
    ensures ok && failure.Passed? ==> Bounded(g, View(images)) && Settled(g, View(images), {})
    ensures ok && failure.Passed? ==> forall o :: o in images && o != null ==> fresh(o)
    ensures ok && failure.Failed? ==> 0 <= block < |g.blocks| && Reachable(g, block) && exists s :: RunReport(g, block, s, false, failure)
  {
    assert 0 <= g.entry < |g.blocks|;
    hide Supports, AllRounds, RoundCostOf, CapAt, Capped, FinalCap, Rounds, Consistent, HistoryKept, Times, ScanCost, OperationCost, After, Reach, Pool, View, Bounded, Settled, RunReport, WellFormed, EntryFacts, BlockQueue.Valid;
    block, failure := -1, Passed;
    ok, images, r := SeedPool(g, b);
    if !ok { return; }
    forall i | 0 <= i < |images| && images[i] != null ensures fresh(images[i]) {
      assert images[i] in images;
    }
    ok, failure, block, images, r := Settle(g, b, images, r);
  }

  /** At the start one block is visited and waiting. */
  lemma StartCosts(g: Graph, images: seq<FlowImage?>, b: FlowBudget, r: seq<nat>, q: BlockQueue)
    requires |g.blocks| >= 1 && |images| == |g.blocks| == q.n && q.Valid() && Pool(images, b, r) && Capped(r, EntryCap(g))
    requires View(images) == map[g.entry := EntryFacts(g)]
    ensures |View(images).Keys| == 1 && Capped(r, CapAt(1, EntryCap(g), GraphSize(g)))
    ensures Times(Rounds(|g.blocks|, 1, TotalFacts(View(images), |g.blocks|), q.count, FinalCap(g)), RoundCostOf(g))
         <= Times(AllRounds(g), RoundCostOf(g))
  {
    hide Consistent, HistoryKept, EntryFacts, BlockCost, Times;
    q.CountBound();
    var n, m := |g.blocks|, FinalCap(g);
    assert View(images).Keys == {g.entry};
    CapGrows(1, n, EntryCap(g), GraphSize(g));
    forall k | k in View(images) ensures |View(images)[k]| <= m { images[k].FactCount(); }
    FactsBound(View(images), n, n, m);
    TimesGrows(TotalFacts(View(images), n), Times(n, m), n + 1);
    TimesGrows(Rounds(n, 1, TotalFacts(View(images), n), q.count, m), AllRounds(g), RoundCostOf(g));
  }

  lemma SettledBasics(g: Graph, x: Assignment, pending: set<int>)
    requires WellFormed(g) && Settled(g, x, pending)
    ensures pending <= x.Keys
  {
  }

  /* ---------- The use check ---------- */

  ghost predicate ParametersPass(g: Graph, b: int, k: int, s: set<Fact>)
    requires WellFormed(g) && 0 <= b < |g.blocks| && 0 <= k < |g.blocks[b].edges|
  {
    var ps := g.blocks[b].edges[k].parameters;
    forall j :: 0 <= j < |ps| ==> Carried(ps[j].location, ps[j].from, g.Width(ps[j].from)) <= FactsOut(g, b, s)
  }

  ghost predicate ParameterRefuted(g: Graph, b: int, k: int, j: int, s: set<Fact>, reason: FailureReason)
    requires WellFormed(g) && 0 <= b < |g.blocks|
  {
    && 0 <= k < |g.blocks[b].edges| && 0 <= j < |g.blocks[b].edges[k].parameters|
    && var p := g.blocks[b].edges[k].parameters[j];
       Refuted(FactsOut(g, b, s), p.location, p.from, g.Width(p.from), reason)
  }

  /** That parameter is refuted, and everything before it on this edge and the earlier ones passes. */
  ghost predicate FirstRefuted(g: Graph, b: int, k: int, j: int, s: set<Fact>, reason: FailureReason)
    requires WellFormed(g) && 0 <= b < |g.blocks|
  {
    && ParameterRefuted(g, b, k, j, s, reason)
    && (forall i :: 0 <= i < k ==> ParametersPass(g, b, i, s))
    && var ps := g.blocks[b].edges[k].parameters;
       forall i :: 0 <= i < j ==> Carried(ps[i].location, ps[i].from, g.Width(ps[i].from)) <= FactsOut(g, b, s)
  }

  /** The outcome of checking all uses and outgoing carriers of a block entered with facts `s`. */
  ghost predicate BlockReport(g: Graph, b: int, s: set<Fact>, failure: Failure)
    requires WellFormed(g) && 0 <= b < |g.blocks|
  {
    if failure.Passed? then
      && RunReport(g, b, s, true, failure)
      && forall k :: 0 <= k < |g.blocks[b].edges| ==> ParametersPass(g, b, k, s)
    else if failure.operation < |g.blocks[b].operations| then RunReport(g, b, s, true, failure)
    else
      && RunReport(g, b, s, true, Passed)
      && failure.operation == |g.blocks[b].operations| && failure.verdict.Rejected? && !failure.reason.ResourceLimit?
      && exists k, j :: FirstRefuted(g, b, k, j, s, failure.reason)
  }

  method CheckParameters(g: Graph, block: int, out: FlowImage, ghost s: set<Fact>, ghost size: nat) returns (ok: bool, failure: Failure)
    requires WellFormed(g) && 0 <= block < |g.blocks| && out.Valid() && out.b.Valid() && out.facts == FactsOut(g, block, s)
    requires BlockFits(g.blocks[block], size)
    modifies out.b
    ensures out.b.Valid() && out.b.facts == old(out.b.facts)
    ensures !ok ==> out.b.Exhausted()
    ensures out.b.work <= old(out.b.work) + Times(size, 1 + Times(size, 65))
    ensures ok && failure.Passed? ==> forall k :: 0 <= k < |g.blocks[block].edges| ==> ParametersPass(g, block, k, s)
    ensures ok && failure.Failed? ==>
              && failure.operation == |g.blocks[block].operations| && failure.verdict.Rejected? && !failure.reason.ResourceLimit?
              && exists k, j :: FirstRefuted(g, block, k, j, s, failure.reason)
  {
    hide Consistent, HistoryKept, Times, ScanCost, OperationCost, After, Reach, FactsOut, Carried;
    assert BlockValid(g, g.blocks[block]);
    var edges := g.blocks[block].edges;
    ok, failure := true, Passed;
    ghost var round := 1 + Times(size, 65);
    EdgeRounds(0, size, round);
    for k := 0 to |edges|
      invariant ok && failure.Passed? && out.b.Valid() && out.b.facts == old(out.b.facts)
      invariant out.b.work <= old(out.b.work) + Times(k, round) <= old(out.b.work) + Times(size, round)
      invariant forall i :: 0 <= i < k ==> ParametersPass(g, block, i, s)
    {
      assert EdgeValid(g, edges[k]);
      EdgeRounds(k, size, round);
      EdgeRounds(0, size, 65);
      ok := out.b.Charge(1);
      if !ok { return; }
      var ps := edges[k].parameters;
      for j := 0 to |ps|
        invariant ok && failure.Passed? && out.b.Valid() && out.b.facts == old(out.b.facts)
        invariant out.b.work <= old(out.b.work) + Times(k, round) + 1 + Times(j, 65) && Times(j, 65) <= Times(size, 65)
        invariant forall i :: 0 <= i < j ==> Carried(ps[i].location, ps[i].from, g.Width(ps[i].from)) <= FactsOut(g, block, s)
      {
        assert ParameterValid(g, ps[j]);
        EdgeRounds(j, size, 65);
        ok := out.b.Charge(1);
        if !ok { return; }
        var reason;
        ok, reason := Check(g, out, ps[j].location, ps[j].from);
        if !ok { return; }
        if !reason.NoFailure? {
          RefutedIsFinding(out.facts, ps[j].location, ps[j].from, g.Width(ps[j].from), reason);
          assert FirstRefuted(g, block, k, j, s, reason);
          return true, Failed(Rejected, reason, |g.blocks[block].operations|);
        }
      }
    }
  }

  lemma RefutedIsFinding(s: set<Fact>, loc: Location, v: nat, width: nat, reason: FailureReason)
    requires Refuted(s, loc, v, width, reason)
    ensures reason.UnknownInput? || reason.ProvenanceMismatch?
  {
  }

  method CheckBlockUses(g: Graph, block: int, entry: FlowImage, ghost c: nat, ghost size: nat) returns (ok: bool, failure: Failure)
    requires WellFormed(g) && 0 <= block < |g.blocks| && entry.Ready()
    requires BlockFits(g.blocks[block], size) && entry.retained < c
    modifies entry.b
    ensures entry.b.Valid()
    ensures !ok ==> entry.b.Exhausted()
    ensures entry.b.work + 1 <= old(entry.b.work) + UseCost(c, size)
    ensures ok ==> BlockReport(g, block, entry.facts, failure)
    ensures ok && failure.Passed? ==> entry.b.facts == old(entry.b.facts)
  {
    hide RunCost, Consistent, HistoryKept, Times, ScanCost, OperationCost, After, Reach, RunReport, FactsOut;
    TimesGrows(0, size, 1 + Times(size, 65));
    var out;
    ok, failure, out := RunCopy(g, block, entry, true, c, size);
    if !ok { return; }
    if failure.Failed? {
      FailedInside(g, block, entry.facts, failure);
      return;
    }
    ok, failure := CheckParameters(g, block, out, entry.facts, size);
    if !ok || failure.Failed? { return; }
    out.Release();
  }

  lemma FailedInside(g: Graph, b: int, s: set<Fact>, failure: Failure)
    requires WellFormed(g) && 0 <= b < |g.blocks| && RunReport(g, b, s, true, failure) && failure.Failed?
    ensures failure.operation < |g.blocks[b].operations|
  {
  }

  lemma UseCostPositive(c: nat, s: nat)
    ensures UseCost(c, s) >= 1
  {
  }

  method CheckUses(g: Graph, images: seq<FlowImage?>, b: FlowBudget, ghost r: seq<nat>)
    returns (ok: bool, failure: Failure, block: int)
    requires WellFormed(g) && |images| == |g.blocks| && Pool(images, b, r) && b.Valid() && b.facts == Sum(r)
    requires Capped(r, FinalCap(g))
    modifies b
    ensures b.Valid()
    ensures !ok ==> b.Exhausted()
    ensures b.work <= old(b.work) + Times(|images|, UseCost(FinalCap(g), GraphSize(g)))
    ensures ok && failure.Passed? ==> forall k :: 0 <= k < |images| && images[k] != null ==> BlockReport(g, k, images[k].facts, Passed)
    ensures ok && failure.Failed? ==> 0 <= block < |images| && images[block] != null && BlockReport(g, block, images[block].facts, failure)
    ensures ok && failure.Failed? ==> forall k :: 0 <= k < block && images[k] != null ==> BlockReport(g, k, images[k].facts, Passed)
  {
    hide UseCost, FinalCap, Consistent, HistoryKept, Times, ScanCost, OperationCost, After, Reach, BlockReport;
    ok, failure, block := true, Passed, -1;
    ghost var round := UseCost(FinalCap(g), GraphSize(g));
    BlocksFit(g);
    UseCostPositive(FinalCap(g), GraphSize(g));
    EdgeRounds(0, |images|, round);
    for k := 0 to |images|
      invariant ok && failure.Passed? && b.Valid() && b.facts == Sum(r) && Pool(images, b, r)
      invariant b.work <= old(b.work) + Times(k, round) <= old(b.work) + Times(|images|, round)
      invariant forall i :: 0 <= i < k && images[i] != null ==> BlockReport(g, i, images[i].facts, Passed)
    {
      EdgeRounds(k, |images|, round);
      ok := b.Charge(1);
      if !ok { return; }
      if images[k] != null {
        SumBounds(r, k);
        ok, failure := CheckBlockUses(g, k, images[k], FinalCap(g), GraphSize(g));
        if !ok { return; }
        if failure.Failed? { return true, failure, k; }
      }
    }
  }

  /* ---------- From reports on the fixed point to statements about paths ---------- */

  /** The carrier is unproved on some path, its first unproved byte for this reason; the reason says whether any value is known there. */
  ghost predicate Unproved(g: Graph, b: int, i: nat, loc: Location, v: nat, reason: FailureReason)
    requires WellFormed(g) && 0 <= b < |g.blocks| && i <= |g.blocks[b].operations|
  {
    exists part :: 0 <= part < g.Width(v) && UnprovedAt(g, b, i, loc.Next(part), Symbol(v, part), reason) && ProvedTo(g, b, i, loc, v, part)
  }

  /** The bytes before `part` are must-facts. */
  ghost predicate ProvedTo(g: Graph, b: int, i: nat, loc: Location, v: nat, part: nat)
    requires WellFormed(g) && 0 <= b < |g.blocks| && i <= |g.blocks[b].operations|
  {
    forall q :: 0 <= q < part ==> MustFactAt(g, b, i, Fact(loc.Next(q), Symbol(v, q)))
  }

  ghost predicate UnprovedAt(g: Graph, b: int, i: nat, at: Location, sym: Symbol, reason: FailureReason)
    requires WellFormed(g) && 0 <= b < |g.blocks| && i <= |g.blocks[b].operations|
  {
    && !MustFactAt(g, b, i, Fact(at, sym))
    && reason == if exists other :: MustFactAt(g, b, i, Fact(at, other)) then ProvenanceMismatch else UnknownInput
  }

  /** Why a rejection is justified: the named use, or an outgoing carrier of the named block. */
  ghost predicate Justified(g: Graph, b: int, i: int, reason: FailureReason) {
    && WellFormed(g) && 0 <= b < |g.blocks| && Reachable(g, b) && 0 <= i <= |g.blocks[b].operations|
    && if i < |g.blocks[b].operations| then
         g.blocks[b].operations[i].Use? && Unproved(g, b, i, g.blocks[b].operations[i].location, g.blocks[b].operations[i].value, reason)
       else exists k, j :: EdgeUnproved(g, b, k, j, reason) && EdgesProvedTo(g, b, k, j)
  }

  /** The parameters of the earlier edges, and the earlier ones of this edge, are proved. */
  ghost predicate EdgesProvedTo(g: Graph, b: int, k: int, j: int) {
    forall k', j' :: ParameterUnproved(g, b, k', j') ==> k' > k || (k' == k && j' >= j)
  }

  ghost predicate EdgeUnproved(g: Graph, b: int, k: int, j: int, reason: FailureReason)
    requires WellFormed(g) && 0 <= b < |g.blocks|
  {
    && 0 <= k < |g.blocks[b].edges| && 0 <= j < |g.blocks[b].edges[k].parameters|
    && var p := g.blocks[b].edges[k].parameters[j];
       Unproved(g, b, |g.blocks[b].operations|, p.location, p.from, reason)
  }

  /** The facts of a solved block are exactly the must-facts. */
  ghost predicate Exact(g: Graph, b: int, x: set<Fact>)
    requires WellFormed(g)
  {
    0 <= b < |g.blocks| && Reachable(g, b) && Known(x) && forall f :: f in x <==> MustFact(g, b, f)
  }

  lemma CarriedIsMust(g: Graph, b: int, i: nat, x: set<Fact>, loc: Location, v: nat)
    requires WellFormed(g) && Exact(g, b, x) && i <= |g.blocks[b].operations|
    ensures Carried(loc, v, g.Width(v)) <= FactsAt(g, b, i, x) <==> MustCarry(g, b, i, loc, v)
  {
    forall part | 0 <= part < g.Width(v)
      ensures Fact(loc.Next(part), Symbol(v, part)) in FactsAt(g, b, i, x)
          <==> MustFactAt(g, b, i, Fact(loc.Next(part), Symbol(v, part)))
    {
      MustFactAtIff(g, b, i, x, Fact(loc.Next(part), Symbol(v, part)));
    }
    forall part | 0 <= part < g.Width(v) ensures Fact(loc.Next(part), Symbol(v, part)) in Carried(loc, v, g.Width(v)) {
    }
  }

  lemma RefutedIsUnproved(g: Graph, b: int, i: nat, x: set<Fact>, loc: Location, v: nat, reason: FailureReason)
    requires WellFormed(g) && Exact(g, b, x) && i <= |g.blocks[b].operations|
    requires Refuted(FactsAt(g, b, i, x), loc, v, g.Width(v), reason)
    ensures Unproved(g, b, i, loc, v, reason) && !MustCarry(g, b, i, loc, v)
  {
    var s := FactsAt(g, b, i, x);
    var part :| 0 <= part < g.Width(v) && RefutedAt(s, loc.Next(part), Symbol(v, part), reason) && Carried(loc, v, part) <= s;
    forall q | 0 <= q < part ensures MustFactAt(g, b, i, Fact(loc.Next(q), Symbol(v, q))) {
      assert Fact(loc.Next(q), Symbol(v, q)) in Carried(loc, v, part);
      MustFactAtIff(g, b, i, x, Fact(loc.Next(q), Symbol(v, q)));
    }
    assert ProvedTo(g, b, i, loc, v, part);
    var at := loc.Next(part);
    forall other ensures Fact(at, other) in s <==> MustFactAt(g, b, i, Fact(at, other)) {
      MustFactAtIff(g, b, i, x, Fact(at, other));
    }
    if FactsHere(s, at) != {} {
      var f :| f in FactsHere(s, at);
      assert f == Fact(at, f.sym);
    } else {
      forall other ensures Fact(at, other) !in s {
        assert Fact(at, other) in s ==> Fact(at, other) in FactsHere(s, at);
      }
    }
    assert UnprovedAt(g, b, i, at, Symbol(v, part), reason);
  }

  lemma PassedIsChecked(g: Graph, b: int, x: set<Fact>)
    requires WellFormed(g) && Exact(g, b, x) && BlockReport(g, b, x, Passed)
    ensures forall i :: 0 <= i < |g.blocks[b].operations| ==> OperationChecked(g, b, i)
    ensures forall k, j :: 0 <= k < |g.blocks[b].edges| && 0 <= j < |g.blocks[b].edges[k].parameters| ==> ParameterChecked(g, b, k, j)
  {
    var block := g.blocks[b];
    forall i | 0 <= i < |block.operations| ensures OperationChecked(g, b, i) {
      assert UsePasses(g, b, i, x);
      if block.operations[i].Use? { CarriedIsMust(g, b, i, x, block.operations[i].location, block.operations[i].value); }
    }
    forall k, j | 0 <= k < |block.edges| && 0 <= j < |block.edges[k].parameters| ensures ParameterChecked(g, b, k, j) {
      assert ParametersPass(g, b, k, x);
      CarriedIsMust(g, b, |block.operations|, x, block.edges[k].parameters[j].location, block.edges[k].parameters[j].from);
    }
  }

  lemma EarlierParameters(g: Graph, b: int, x: set<Fact>, reason: FailureReason, k: int, j: int, k': int, j': int)
    requires WellFormed(g) && Exact(g, b, x) && FirstRefuted(g, b, k, j, x, reason)
    ensures ParameterUnproved(g, b, k', j') ==> k' > k || (k' == k && j' >= j)
  {
    if 0 <= k' < |g.blocks[b].edges| && 0 <= j' < |g.blocks[b].edges[k'].parameters| {
      var p := g.blocks[b].edges[k'].parameters[j'];
      CarriedIsMust(g, b, |g.blocks[b].operations|, x, p.location, p.from);
      if k' < k { assert ParametersPass(g, b, k', x); }
    }
  }

  lemma FailedUseIsJustified(g: Graph, b: int, x: set<Fact>, failure: Failure)
    requires WellFormed(g) && Exact(g, b, x) && RunReport(g, b, x, true, failure) && failure.Failed?
    ensures failure.operation < |g.blocks[b].operations| && !OperationChecked(g, b, failure.operation)
    ensures failure.verdict.Rejected? ==> Justified(g, b, failure.operation, failure.reason)
    ensures failure.verdict.Rejected? || UnsupportedAt(g, b, failure.operation)
    ensures Attributed(failure)
  {
    hide Unproved;
    var op := g.blocks[b].operations[failure.operation];
    if !op.Unsupported? {
      RefutedIsUnproved(g, b, failure.operation, x, op.location, op.value, failure.reason);
      RefutedIsFinding(FactsAt(g, b, failure.operation, x), op.location, op.value, g.Width(op.value), failure.reason);
    }
  }

  lemma FailedEdgeIsJustified(g: Graph, b: int, x: set<Fact>, reason: FailureReason, k: int, j: int)
    requires WellFormed(g) && Exact(g, b, x) && FirstRefuted(g, b, k, j, x, reason)
    ensures !ParameterChecked(g, b, k, j) && Justified(g, b, |g.blocks[b].operations|, reason)
    ensures reason.UnknownInput? || reason.ProvenanceMismatch?
  {
    hide Unproved, Exact, WellFormed;
    ExactReachable(g, b, x);
    var i, p := |g.blocks[b].operations|, g.blocks[b].edges[k].parameters[j];
    RefutedIsUnproved(g, b, i, x, p.location, p.from, reason);
    RefutedIsFinding(FactsAt(g, b, i, x), p.location, p.from, g.Width(p.from), reason);
    forall k', j' ensures ParameterUnproved(g, b, k', j') ==> k' > k || (k' == k && j' >= j) {
      EarlierParameters(g, b, x, reason, k, j, k', j');
    }
    assert EdgeUnproved(g, b, k, j, reason) && EdgesProvedTo(g, b, k, j);
  }

  lemma ExactReachable(g: Graph, b: int, x: set<Fact>)
    requires WellFormed(g) && Exact(g, b, x)
    ensures 0 <= b < |g.blocks| && Reachable(g, b)
  {
  }

  lemma FailedIsJustified(g: Graph, b: int, x: set<Fact>, failure: Failure)
    requires WellFormed(g) && Exact(g, b, x) && BlockReport(g, b, x, failure) && failure.Failed?
    ensures !Checked(g)
    ensures failure.verdict.Rejected? ==> Justified(g, b, failure.operation, failure.reason)
    ensures failure.verdict.Rejected? || UnsupportedAt(g, b, failure.operation)
    ensures Attributed(failure)
  {
    hide RunReport, FirstRefuted, Justified, UnsupportedAt, OperationChecked, ParameterChecked, WellFormed;
    if failure.operation < |g.blocks[b].operations| {
      FailedUseIsJustified(g, b, x, failure);
      FailureInside(g, b, x, failure);
      assert !OperationChecked(g, b, failure.operation);
    } else {
      var k, j :| FirstRefuted(g, b, k, j, x, failure.reason);
      FailedEdgeIsJustified(g, b, x, failure.reason, k, j);
      FirstRefutedInside(g, b, k, j, x, failure.reason);
      assert !ParameterChecked(g, b, k, j);
    }
  }

  lemma FailureInside(g: Graph, b: int, x: set<Fact>, failure: Failure)
    requires WellFormed(g) && 0 <= b < |g.blocks| && RunReport(g, b, x, true, failure) && failure.Failed?
    ensures 0 <= failure.operation < |g.blocks[b].operations|
  {
  }

  lemma FirstRefutedInside(g: Graph, b: int, k: int, j: int, x: set<Fact>, reason: FailureReason)
    requires WellFormed(g) && 0 <= b < |g.blocks| && FirstRefuted(g, b, k, j, x, reason)
    ensures 0 <= k < |g.blocks[b].edges| && 0 <= j < |g.blocks[b].edges[k].parameters|
  {
  }

  /** Everything that the check meets before operation `i` of block `b` is proved. */
  ghost predicate ProvedBefore(g: Graph, b: int, i: int) {
    && (forall b', i' :: UseUnproved(g, b', i') ==> b' > b || (b' == b && i' >= i))
    && (forall b', k, j :: ParameterUnproved(g, b', k, j) ==> b' >= b)
  }

  lemma FailedIsFirst(g: Graph, x: Assignment, b: int, failure: Failure)
    requires WellFormed(g) && Bounded(g, x) && Settled(g, x, {}) && b in x && 0 <= b < |g.blocks|
    requires BlockReport(g, b, x[b], failure) && failure.Failed?
    requires forall k :: k in x && k < b ==> 0 <= k < |g.blocks| && BlockReport(g, k, x[k], Passed)
    ensures ProvedBefore(g, b, failure.operation)
  {
    hide Bounded, Settled, WellFormed, MustCarry, Exact, BlockReport;
    SolvedIsExact(g, x, b);
    forall b', i' ensures UseUnproved(g, b', i') ==> b' > b || (b' == b && i' >= failure.operation) {
      if 0 <= b' <= b && Reachable(g, b') && 0 <= i' < |g.blocks[b'].operations| {
        SolvedIsExact(g, x, b');
        if b' < b {
          PassedIsChecked(g, b', x[b']);
          assert OperationChecked(g, b', i');
        } else if i' < failure.operation {
          EarlierChecked(g, b, x[b], failure, i');
        }
      }
    }
    forall b', k, j ensures ParameterUnproved(g, b', k, j) ==> b' >= b {
      if 0 <= b' < b && Reachable(g, b') && 0 <= k < |g.blocks[b'].edges| && 0 <= j < |g.blocks[b'].edges[k].parameters| {
        SolvedIsExact(g, x, b');
        PassedIsChecked(g, b', x[b']);
        assert ParameterChecked(g, b', k, j);
      }
    }
  }

  lemma EarlierChecked(g: Graph, b: int, x: set<Fact>, failure: Failure, i: int)
    requires WellFormed(g) && Exact(g, b, x) && BlockReport(g, b, x, failure) && failure.Failed?
    requires 0 <= i < |g.blocks[b].operations| && i < failure.operation
    ensures OperationChecked(g, b, i)
  {
    assert UsePasses(g, b, i, x);
    var op := g.blocks[b].operations[i];
    if op.Use? { CarriedIsMust(g, b, i, x, op.location, op.value); }
  }

  /** Rejections blame a value, inconclusive answers an unsupported operation. */
  predicate Attributed(failure: Failure)
    requires failure.Failed?
  {
    if failure.verdict.Rejected? then failure.reason.UnknownInput? || failure.reason.ProvenanceMismatch?
    else failure.verdict.Inconclusive? && failure.reason.UnsupportedOperation?
  }

  ghost predicate UnsupportedAt(g: Graph, b: int, i: int) {
    && 0 <= b < |g.blocks| && 0 <= i < |g.blocks[b].operations|
    && WellFormed(g) && Reachable(g, b) && g.blocks[b].operations[i].Unsupported?
  }

  /** Some reachable block contains an unsupported operation. */
  ghost predicate HasUnsupported(g: Graph) {
    exists b, i :: UnsupportedAt(g, b, i)
  }

  /** A reachable use whose bytes are not all must-facts. */
  ghost predicate UseUnproved(g: Graph, b: int, i: int) {
    && WellFormed(g) && 0 <= b < |g.blocks| && Reachable(g, b) && 0 <= i < |g.blocks[b].operations|
    && g.blocks[b].operations[i].Use?
    && !MustCarry(g, b, i, g.blocks[b].operations[i].location, g.blocks[b].operations[i].value)
  }

  /** A parameter of a reachable edge whose carrier is not all must-facts before the renaming. */
  ghost predicate ParameterUnproved(g: Graph, b: int, k: int, j: int) {
    && WellFormed(g) && 0 <= b < |g.blocks| && Reachable(g, b)
    && 0 <= k < |g.blocks[b].edges| && 0 <= j < |g.blocks[b].edges[k].parameters|
    && var p := g.blocks[b].edges[k].parameters[j];
       !MustCarry(g, b, |g.blocks[b].operations|, p.location, p.from)
  }

  ghost predicate HasUnproved(g: Graph) {
    (exists b, i :: UseUnproved(g, b, i)) || (exists b, k, j :: ParameterUnproved(g, b, k, j))
  }

  /** Checked graphs are those with nothing unsupported and nothing unproved. */
  lemma CheckedIff(g: Graph)
    requires WellFormed(g)
    ensures Checked(g) <==> !HasUnsupported(g) && !HasUnproved(g)
  {
    hide WellFormed, MustCarry, Reachable;
    if !HasUnsupported(g) && !HasUnproved(g) {
      forall b, i | 0 <= b < |g.blocks| && Reachable(g, b) && 0 <= i < |g.blocks[b].operations|
        ensures OperationChecked(g, b, i)
      {
        assert !UnsupportedAt(g, b, i) && !UseUnproved(g, b, i);
      }
      forall b, k, j | 0 <= b < |g.blocks| && Reachable(g, b) && 0 <= k < |g.blocks[b].edges| && 0 <= j < |g.blocks[b].edges[k].parameters|
        ensures ParameterChecked(g, b, k, j)
      {
        assert !ParameterUnproved(g, b, k, j);
      }
    }
    if Checked(g) {
      forall b, i ensures !UnsupportedAt(g, b, i) && !UseUnproved(g, b, i) {
        if 0 <= b < |g.blocks| && Reachable(g, b) && 0 <= i < |g.blocks[b].operations| { assert OperationChecked(g, b, i); }
      }
      forall b, k, j ensures !ParameterUnproved(g, b, k, j) {
        if 0 <= b < |g.blocks| && Reachable(g, b) && 0 <= k < |g.blocks[b].edges| && 0 <= j < |g.blocks[b].edges[k].parameters| {
          assert ParameterChecked(g, b, k, j);
        }
      }
    }
  }

  /** Once every reachable block has been run, nothing reachable is unsupported. */
  lemma SettledIsSupported(g: Graph, x: Assignment)
    requires WellFormed(g) && Bounded(g, x) && Settled(g, x, {}) && Supports(g, x, [])
    ensures !HasUnsupported(g)
  {
    hide Bounded, Settled, WellFormed, Exact;
    forall b, i ensures !UnsupportedAt(g, b, i) {
      if 0 <= b < |g.blocks| && Reachable(g, b) {
        SolvedIsExact(g, x, b);
        assert Supported(g, b);
      }
    }
  }

  lemma SolvedIsExact(g: Graph, x: Assignment, b: int)
    requires WellFormed(g) && Bounded(g, x) && Settled(g, x, {})
    ensures b in x <==> Reachable(g, b)
    ensures b in x ==> Exact(g, b, x[b])
  {
    Solved(g, x);
  }

  lemma AllPassedIsChecked(g: Graph, x: Assignment)
    requires WellFormed(g) && Bounded(g, x) && Settled(g, x, {})
    requires forall b :: b in x ==> 0 <= b < |g.blocks| && BlockReport(g, b, x[b], Passed)
    ensures Checked(g)
  {
    hide Bounded, Settled, BlockReport, OperationChecked, ParameterChecked, Exact, WellFormed;
    forall b | 0 <= b < |g.blocks| && Reachable(g, b)
      ensures forall i :: 0 <= i < |g.blocks[b].operations| ==> OperationChecked(g, b, i)
      ensures forall k, j :: 0 <= k < |g.blocks[b].edges| && 0 <= j < |g.blocks[b].edges[k].parameters| ==> ParameterChecked(g, b, k, j)
    {
      SolvedIsExact(g, x, b);
      assert b in x;
      PassedIsChecked(g, b, x[b]);
    }
  }

  lemma UnsupportedIsUnchecked(g: Graph, b: int, s: set<Fact>, failure: Failure)
    requires WellFormed(g) && 0 <= b < |g.blocks| && Reachable(g, b) && RunReport(g, b, s, false, failure) && failure.Failed?
    ensures UnsupportedAt(g, b, failure.operation) && !Checked(g)
    ensures Attributed(failure) && failure.verdict.Inconclusive?
  {
    assert !OperationChecked(g, b, failure.operation);
  }

  /* ---------- Verify ---------- */

  lemma UnsupportedFound(g: Graph, b: int, i: int)
    requires UnsupportedAt(g, b, i)
    ensures HasUnsupported(g)
  {
  }

  /** Analyses a validated graph. */
  method Analyse(g: Graph, b: FlowBudget) returns (ok: bool, failure: Failure, block: int)
    requires WellFormed(g) && b.Valid() && b.facts == 0
    requires |g.blocks| >= 1
    modifies b
    ensures b.Valid()
    ensures !ok ==> b.Exhausted()
    ensures b.work + AdmissionCost(g) <= old(b.work) + WorkBound(g)
    ensures ok ==> (failure.Passed? <==> Checked(g))
    ensures ok ==> (failure.Failed? && failure.verdict.Inconclusive? <==> HasUnsupported(g))
    ensures ok && failure.Failed? ==> Attributed(failure)
    ensures ok && failure.Failed? && failure.verdict.Rejected? ==> ProvedBefore(g, block, failure.operation)
    ensures ok && failure.Failed? && failure.verdict.Rejected? ==> Justified(g, block, failure.operation, failure.reason)
    ensures ok && failure.Failed? && failure.verdict.Inconclusive? ==> UnsupportedAt(g, block, failure.operation)
  {
    hide Supports, HasUnsupported, HasUnproved, ProvedBefore, AllRounds, RoundCostOf, FinalCap, UseCost, Capped, AdmissionCost, Consistent, HistoryKept, Times, ScanCost, OperationCost, After, Reach, Pool, View, Bounded, Settled, BlockReport, RunReport, Checked, Justified, UnsupportedAt, WellFormed, Exact;
    var images;
    ghost var r;
    ok, failure, block, images, r := Solve(g, b);
    if !ok { return; }
    if failure.Failed? {
      ghost var s :| RunReport(g, block, s, false, failure);
      UnsupportedIsUnchecked(g, block, s, failure);
      UnsupportedFound(g, block, failure.operation);
      return;
    }
    ghost var x := View(images);
    SettledIsSupported(g, x);
    ok, failure, block := CheckUses(g, images, b, r);
    if !ok { return; }
    assert View(images) == x;
    if failure.Failed? {
      ViewAt(images, block);
      SolvedIsExact(g, x, block);
      FailedIsJustified(g, block, x[block], failure);
      if UnsupportedAt(g, block, failure.operation) { UnsupportedFound(g, block, failure.operation); }
      forall k | k in x && k < block ensures 0 <= k < |g.blocks| && BlockReport(g, k, x[k], Passed) {
        BoundedBasics(g, x);
        ViewAt(images, k);
      }
      BoundedBasics(g, x);
      FailedIsFirst(g, x, block, failure);
    } else {
      forall k | k in x ensures 0 <= k < |g.blocks| && BlockReport(g, k, x[k], Passed) {
        BoundedBasics(g, x);
        ViewAt(images, k);
      }
      AllPassedIsChecked(g, x);
    }
  }

  /** Coming up to a budget, for a graph within the limits, takes limits that are not generous. */
  lemma NotGenerous(g: Graph, l: Limits, work: int, facts: int)
    requires work <= WorkBound(g) && facts <= work && (work + facts + GraphSize(g) >= l.work || facts == l.facts)
    ensures !Generous(g, l)
  {
  }

  /** The verdict that a graph deserves, limits aside: exactly one applies. */
  ghost predicate Deserves(g: Graph, r: Result) {
    if !WellFormed(g) then r.verdict.Inconclusive? && r.reason.InvalidGraph? && r.block == r.operation == -1
    else if HasUnsupported(g) then
      r.verdict.Inconclusive? && r.reason.UnsupportedOperation? && UnsupportedAt(g, r.block, r.operation)
    else if HasUnproved(g) then
      r.verdict.Rejected? && Justified(g, r.block, r.operation, r.reason) && ProvedBefore(g, r.block, r.operation)
    else r.verdict.Verified? && r.reason.NoFailure? && r.block == r.operation == -1
  }

  /**
   The verdict of the checker.  Invalid limits are refused; exhausting a limit is inconclusive, and never
   happens under limits that are generous for the graph; otherwise the graph gets the verdict that it
   deserves.  A verified graph is safe in every run of the machine.
   */
  method Verify(g: Graph, limits: Limits) returns (r: Result)
    ensures !LimitsValid(limits) ==> r == Result(Inconclusive, InvalidGraph, -1, -1, 0)
    ensures LimitsValid(limits) && !r.reason.ResourceLimit? ==> Deserves(g, r)
    ensures r.reason.ResourceLimit? ==> r.verdict.Inconclusive? && r.block == r.operation == -1
    ensures r.reason.ResourceLimit? ==> LimitsValid(limits) && !Generous(g, ResolveLimits(limits))
    ensures LimitsValid(limits) && WellFormed(g) && !WithinLimits(g, ResolveLimits(limits)) ==> r.reason.ResourceLimit?
    ensures r.verdict.Verified? ==> AllRunsSafe(g) && Checked(g)
    ensures LimitsValid(limits) ==> 0 <= r.work <= ResolveLimits(limits).work
    ensures r.work <= WorkBound(g)
  {
    hide WorkBound, Checked, AllRunsSafe, Justified, UnsupportedAt, WellFormed, HasUnsupported, HasUnproved, ProvedBefore;
    if limits.blocks < 0 || limits.values < 0 || limits.operations < 0 || limits.facts < 0 || limits.work < 0 {
      return Result(Inconclusive, InvalidGraph, -1, -1, 0);
    }
    var resolved := limits;
    if resolved.blocks == 0 { resolved := resolved.(blocks := 4096); }
    if resolved.values == 0 { resolved := resolved.(values := 65536); }
    if resolved.operations == 0 { resolved := resolved.(operations := 262144); }
    if resolved.facts == 0 { resolved := resolved.(facts := 1048576); }
    if resolved.work == 0 { resolved := resolved.(work := 33554432); }
    assert resolved == ResolveLimits(limits);
    var b := new FlowBudget(resolved);
    WorkBoundCovers(g);
    var ok, why := Validate(g, b);
    if !ok {
      NotGenerous(g, b.limits, b.work, b.facts);
      return Result(Inconclusive, ResourceLimit, -1, -1, b.work);
    }
    if !why.NoComplaint? {
      if why.ValueLimit? || why.OperationLimit? || |g.blocks| > b.limits.blocks {
        return Result(Inconclusive, ResourceLimit, -1, -1, b.work);
      }
      return Result(Inconclusive, InvalidGraph, -1, -1, b.work);
    }
    var failure, block;
    ok, failure, block := Analyse(g, b);
    if !ok {
      NotGenerous(g, b.limits, b.work, b.facts);
      return Result(Inconclusive, ResourceLimit, -1, -1, b.work);
    }
    CheckedIff(g);
    match failure {
      case Passed =>
        CheckedRunsAreSafe(g);
        return Result(Verified, NoFailure, -1, -1, b.work);
      case Failed(verdict, reason, operation) => return Result(verdict, reason, block, operation, b.work);
    }
  }

  lemma WorkBoundCovers(g: Graph)
    ensures AdmissionCost(g) == 3 * GraphSize(g) + |g.blocks| <= WorkBound(g)
    ensures WellFormed(g) ==> |g.blocks| >= 1
  {
  }
}
